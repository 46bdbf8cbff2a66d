/** Size and maximum-load accounting of the concurrent table.
 *
 *  Counting an element and comparing the snapshot with the maximum load are two
 *  atomic accesses, and erasures lower the maximum load in between.  The
 *  accounting below still keeps the load within the maximum load, the maximum
 *  load within the capacity, and neither counter ever wraps below zero.
 */
module ConcurrentLoad {
  import opened Prober
  import opened Hashing
  import opened TableLayout
  import opened Optional
  import opened ConcurrentModel
  import opened ConcurrentInvariant

  ghost function Threads(pc: map<Tid, Pc>, f: Pc -> bool): (ts: set<Tid>) {
    set t | t in pc && f(pc[t])
  }

  /** Threads whose increment of the size has not been undone or turned into an element. */
  predicate Counted(pc: Pc) {
    pc.Reserved? || pc.Refused? || pc.Seek? || pc.Held? || pc.Taking? || pc.Bump? || pc.Won? || pc.Lost? || pc.Unwound?
    || pc.Destroyed? || pc.Lowered? || pc.Cleared?
  }

  /** Threads that weigh on the maximum load: admitted insertions, reservations whose
   *  snapshot still fits, and erasures that have not lowered it.
   */
  predicate Loading(ml: int, pc: Pc) {
    || pc.Seek? || pc.Held? || pc.Taking? || pc.Bump? || pc.Won? || pc.Lost?
    || (pc.Reserved? && pc.snapshot <= ml)
    || pc.Destroyed? || (pc.Lowered? && !pc.dec)
  }

  predicate Discounted(pc: Pc) { pc.Lowered? && pc.dec }

  /** Admitted insertions: those that have passed the comparison with the maximum load. */
  predicate Admitted(pc: Pc) {
    pc.Seek? || pc.Held? || pc.Taking? || pc.Bump? || pc.Won? || pc.Lost?
  }

  ghost function CountedThreads(s: State): set<Tid> { Threads(s.pc, Counted) }

  ghost function LoadingThreads(s: State, ml: int): set<Tid> { Threads(s.pc, pc => Loading(ml, pc)) }

  ghost function DiscountedThreads(s: State): set<Tid> { Threads(s.pc, Discounted) }

  ghost predicate Balanced(s: State) {
    && s.size == |Live(s.t.elems)| + |CountedThreads(s)|
    && |Live(s.t.elems)| + |LoadingThreads(s, s.ml)| <= s.ml
    && s.ml + |DiscountedThreads(s)| <= Capacity(s.t)
  }

  function One(b: bool): int { if b then 1 else 0 }

  lemma ThreadsAfter(m: map<Tid, Pc>, t: Tid, pc: Pc, f: Pc -> bool)
    requires t in m
    ensures |Threads(m[t := pc], f)| == |Threads(m, f)| - One(f(m[t])) + One(f(pc))
  {
    var rest := Threads(m, f) - {t};
    assert Threads(m, f) == if f(m[t]) then rest + {t} else rest;
    assert Threads(m[t := pc], f) == if f(pc) then rest + {t} else rest;
  }

  /** How one thread's move shifts the three counts. */
  lemma CountsAfter(s: State, s': State, t: Tid)
    requires t in s.pc && t in s'.pc && s'.pc == s.pc[t := s'.pc[t]]
    ensures |CountedThreads(s')| == |CountedThreads(s)| - One(Counted(s.pc[t])) + One(Counted(s'.pc[t]))
    ensures forall ml :: |LoadingThreads(s', ml)|
              == |LoadingThreads(s, ml)| - One(Loading(ml, s.pc[t])) + One(Loading(ml, s'.pc[t]))
    ensures |DiscountedThreads(s')| == |DiscountedThreads(s)| - One(Discounted(s.pc[t])) + One(Discounted(s'.pc[t]))
  {
    ThreadsAfter(s.pc, t, s'.pc[t], Counted);
    ThreadsAfter(s.pc, t, s'.pc[t], Discounted);
    forall ml ensures |LoadingThreads(s', ml)|
              == |LoadingThreads(s, ml)| - One(Loading(ml, s.pc[t])) + One(Loading(ml, s'.pc[t]))
    {
      ThreadsAfter(s.pc, t, s'.pc[t], pc => Loading(ml, pc));
    }
  }

  lemma LoadingIsCounted(s: State, ml: int)
    ensures LoadingThreads(s, ml) <= CountedThreads(s)
    ensures |LoadingThreads(s, ml)| <= |CountedThreads(s)|
  {
    SubsetBound(LoadingThreads(s, ml), CountedThreads(s));
  }

  lemma LoadingShrinks(s: State, ml: int, ml': int)
    requires ml' <= ml
    ensures |LoadingThreads(s, ml')| <= |LoadingThreads(s, ml)|
  {
    SubsetBound(LoadingThreads(s, ml'), LoadingThreads(s, ml));
  }

  lemma LiveAfter(elems: seq<Option<Entry>>, x: nat, v: Option<Entry>)
    requires x < |elems|
    ensures |Live(elems[x := v])| == |Live(elems)| - One(elems[x].Some?) + One(v.Some?)
  {
    var rest := Live(elems) - {x};
    assert Live(elems) == if elems[x].Some? then rest + {x} else rest;
    assert Live(elems[x := v]) == if v.Some? then rest + {x} else rest;
  }

  /** A step that changes no element, size or maximum load, and no thread's weight. */
  lemma WeightlessKeeps(s: State, s': State, t: Tid)
    requires Balanced(s) && t in s.pc && t in s'.pc && s'.pc == s.pc[t := s'.pc[t]]
    requires s'.t.elems == s.t.elems && s'.size == s.size && s'.ml == s.ml && Capacity(s'.t) == Capacity(s.t)
    requires Counted(s'.pc[t]) == Counted(s.pc[t]) && Discounted(s'.pc[t]) == Discounted(s.pc[t])
    requires Loading(s.ml, s'.pc[t]) ==> Loading(s.ml, s.pc[t])
    ensures Balanced(s')
  {
    CountsAfter(s, s', t);
  }

  lemma DestroyBalanced(s: State, s': State, t: Tid, x: nat)
    requires Balanced(s) && t in s.pc && s.pc[t].Compare? && x < |s.t.elems| && s.t.elems[x].Some?
    requires s' == s.(t := s.t.(elems := s.t.elems[x := None]), claim := s'.claim, pc := s.pc[t := Destroyed(x)])
    ensures Balanced(s')
  {
    CountsAfter(s, s', t);
    LiveAfter(s.t.elems, x, None);
  }

  predicate Walking(pc: Pc) { pc.Begin? || pc.Scan? || pc.Enter? || pc.Compare? || pc.Check? }

  /** A walk changes nothing but the walker's place, unless it destroys the element it found. */
  lemma WalkMoves(s: State, s': State, t: Tid)
    requires Sized(s) && t in s.pc && WalkStep(s, s', t)
    ensures Walking(s.pc[t]) && t in s'.pc
    ensures s'.pc[t].Destroyed? ==>
      s.pc[t].Compare? && s'.pc[t].x < |s.t.elems| && s.t.elems[s'.pc[t].x].Some?
      && s' == s.(t := s.t.(elems := s.t.elems[s'.pc[t].x := None]), claim := s'.claim, pc := s.pc[t := s'.pc[t]])
    ensures !s'.pc[t].Destroyed? ==>
      s' == s.(pc := s.pc[t := s'.pc[t]]) && (Walking(s'.pc[t]) || s'.pc[t].Reserve? || s'.pc[t].Done?)
  {
  }

  lemma WalkBalanced(s: State, s': State, t: Tid)
    requires Sized(s) && Balanced(s) && t in s.pc && WalkStep(s, s', t)
    ensures Balanced(s')
  {
    WalkMoves(s, s', t);
    if s'.pc[t].Destroyed? {
      DestroyBalanced(s, s', t, s'.pc[t].x);
    } else {
      WeightlessKeeps(s, s', t);
    }
  }

  lemma LowerBalanced(s: State, s': State, t: Tid, x: nat, dec: bool)
    requires Balanced(s) && t in s.pc && s.pc[t] == Destroyed(x)
    requires s' == s.(ml := if dec then s.ml - 1 else s.ml, pc := s.pc[t := Lowered(x, dec)])
    ensures Balanced(s')
  {
    CountsAfter(s, s', t);
    LoadingShrinks(s, s.ml, s'.ml);
  }

  lemma EraseBalanced(s: State, s': State, t: Tid)
    requires Sized(s) && Balanced(s) && t in s.pc && EraseStep(s, s', t)
    ensures Balanced(s')
  {
    if s.pc[t].Destroyed? {
      LowerBalanced(s, s', t, s.pc[t].x, s'.pc[t].dec);
    } else {
      CountsAfter(s, s', t);
    }
  }

  lemma ReserveBalanced(s: State, s': State, t: Tid)
    requires Balanced(s) && t in s.pc && ReserveStep(s, s', t)
    ensures Balanced(s')
  {
    CountsAfter(s, s', t);
    LoadingIsCounted(s, s.ml);
  }

  lemma PlaceBalanced(s: State, s': State, t: Tid)
    requires Sized(s) && Balanced(s) && t in s.pc && ThreadOk(s, s.pc[t]) && PlaceStep(s, s', t)
    ensures Balanced(s')
  {
    if s.pc[t].Won? {
      CountsAfter(s, s', t);
      LiveAfter(s.t.elems, s.pc[t].x, Some(s.pc[t].e));
    } else {
      WeightlessKeeps(s, s', t);
    }
  }

  lemma RestIsBalanced(s: State)
    requires AtRest(s)
    ensures Balanced(s)
  {
    assert CountedThreads(s) == {} && LoadingThreads(s, s.ml) == {} && DiscountedThreads(s) == {};
  }

  lemma ThreadStepBalanced(s: State, s': State, t: Tid)
    requires Sized(s) && Balanced(s) && ThreadStep(s, s', t) && ThreadOk(s, s.pc[t])
    ensures Balanced(s')
  {
    if CallStep(s, s', t) {
      WeightlessKeeps(s, s', t);
    } else if WalkStep(s, s', t) {
      WalkBalanced(s, s', t);
    } else if EraseStep(s, s', t) {
      EraseBalanced(s, s', t);
    } else if ReserveStep(s, s', t) {
      ReserveBalanced(s, s', t);
    } else {
      PlaceBalanced(s, s', t);
    }
  }

  lemma StepBalanced(s: State, s': State)
    requires Inv(s) && Balanced(s) && Next(s, s')
    ensures Balanced(s')
  {
    if ContainerStep(s, s') {
      RestIsBalanced(s');
    } else {
      var t :| ThreadStep(s, s', t);
      ThreadStepBalanced(s, s', t);
    }
  }

  lemma StartsBalanced(s: State)
    requires Init(s)
    ensures Balanced(s)
  {
    RestIsBalanced(s);
  }

  lemma NextBalanced(run: seq<State>, i: nat)
    requires Behavior(run) && i + 1 < |run| && Balanced(run[i])
    ensures Balanced(run[i + 1])
  {
    RunKeepsInvariant(run, i);
    assert NextAt(run, i);
    StepBalanced(run[i], run[i + 1]);
  }

  lemma {:induction false} RunStaysBalanced(run: seq<State>, i: nat)
    requires Behavior(run) && i < |run|
    ensures Balanced(run[i])
  {
    if i == 0 {
      StartsBalanced(run[0]);
    } else {
      RunStaysBalanced(run, i - 1);
      NextBalanced(run, i - 1);
    }
  }

  // ------------------------------------------------------------ main theorems

  /** In every state of every run: stored elements together with all admitted insertions and
   *  with the pending reservations that still fit stay within the maximum load, which stays
   *  within the capacity; neither counter is ever negative.
   */
  lemma LoadStaysBounded(run: seq<State>, i: nat)
    requires Behavior(run) && i < |run|
    ensures var s := run[i];
            && |Live(s.t.elems)| + |Threads(s.pc, pc => Admitted(pc) || (pc.Reserved? && pc.snapshot <= s.ml))| <= s.ml
            && 0 <= s.ml <= Capacity(s.t)
            && 0 <= |Live(s.t.elems)| <= s.size
  {
    RunStaysBalanced(run, i);
    RunKeepsInvariant(run, i);
    var s := run[i];
    var pending := Threads(s.pc, pc => Admitted(pc) || (pc.Reserved? && pc.snapshot <= s.ml));
    assert pending <= LoadingThreads(s, s.ml);
    SubsetBound(pending, LoadingThreads(s, s.ml));
  }

  ghost function Occupied(s: State): (xs: set<nat>) {
    set x: nat | x < |s.t.tags| && s.t.tags[x] >= 2
  }

  ghost function Busy(s: State): (xs: set<nat>)
    requires Sized(s)
  {
    set x: nat | x < |s.t.tags| && s.t.tags[x] >= 2 && s.t.elems[x] == None
  }

  /** Distinct slots in work have distinct workers. */
  lemma {:induction false} WorkersCover(pc: map<Tid, Pc>, xs: set<nat>) returns (ts: set<Tid>)
    requires forall x :: x in xs ==> exists t :: t in pc && WorksOn(pc[t], x)
    ensures |ts| == |xs| && forall t :: t in ts ==> t in pc && exists x :: x in xs && WorksOn(pc[t], x)
    decreases |xs|
  {
    if x :| x in xs {
      var rest := WorkersCover(pc, xs - {x});
      var t :| t in pc && WorksOn(pc[t], x);
      assert t !in rest;
      ts := rest + {t};
    } else {
      ts := {};
    }
  }

  predicate Working(pc: Pc) {
    pc.Destroyed? || pc.Lowered? || pc.Bump? || pc.Won? || pc.Lost?
  }

  predicate Seeking(pc: Pc) { pc.Seek? || pc.Held? || pc.Taking? }

  lemma OccupiedSplit(s: State)
    requires Sized(s)
    ensures |Occupied(s)| <= |Busy(s)| + |Live(s.t.elems)|
  {
    assert Occupied(s) == Busy(s) + (Occupied(s) - Busy(s));
    SubsetBound(Occupied(s) - Busy(s), Live(s.t.elems));
  }

  lemma BusyHaveWorkers(s: State)
    requires Inv(s)
    ensures forall x :: x in Busy(s) ==> exists t :: t in s.pc && WorksOn(s.pc[t], x)
  {
    forall x | x in Busy(s) ensures HasWorker(s, x) {
      assert SlotOk(s, x);
    }
    assert forall x :: HasWorker(s, x) ==> exists t :: t in s.pc && WorksOn(s.pc[t], x);
  }

  /** Workers and seekers are admitted insertions or unfinished erasures. */
  lemma WorkersAndSeekers(s: State, workers: set<Tid>)
    requires forall t :: t in workers ==> t in s.pc && Working(s.pc[t])
    ensures |workers| + |Threads(s.pc, Seeking)| <= |LoadingThreads(s, s.ml)| + |DiscountedThreads(s)|
  {
    var seekers := Threads(s.pc, Seeking);
    var weighing := LoadingThreads(s, s.ml) + DiscountedThreads(s);
    SubsetBound(workers + seekers, weighing);
    assert workers !! seekers;
  }

  /** Occupied slots and the slots still sought by admitted insertions together fit the capacity. */
  lemma SlotsSuffice(s: State)
    requires Inv(s) && Balanced(s)
    ensures |Occupied(s)| + |Threads(s.pc, Seeking)| <= Capacity(s.t)
  {
    OccupiedSplit(s);
    BusyHaveWorkers(s);
    var workers := WorkersCover(s.pc, Busy(s));
    WorkersAndSeekers(s, workers);
  }

  /** An admitted insertion never seeks a slot in a full table. */
  lemma AdmittedFindsRoom(run: seq<State>, i: nat, t: Tid) returns (x: nat)
    requires Behavior(run) && i < |run| && t in run[i].pc && Seeking(run[i].pc[t])
    ensures x < |run[i].t.tags| && run[i].t.tags[x] == FREE
  {
    RunStaysBalanced(run, i);
    RunKeepsInvariant(run, i);
    var s := run[i];
    SlotsSuffice(s);
    assert t in Threads(s.pc, Seeking);
    var all := Below(Capacity(s.t));
    BelowCount(Capacity(s.t));
    if all <= Occupied(s) {
      SubsetBound(all, Occupied(s));
    }
    x :| x in all && x !in Occupied(s);
    assert SlotOk(s, x);
  }
}

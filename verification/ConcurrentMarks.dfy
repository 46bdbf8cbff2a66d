/** What the overflow marks of the concurrent table record, and how they lower the
 *  maximum load: the drift that erasures in overflowed groups would cause is paid back.
 */
module ConcurrentMarks {
  import opened Prober
  import opened Hashing
  import opened TableLayout
  import opened Optional
  import opened ConcurrentModel
  import opened ConcurrentInvariant
  import opened ConcurrentTheorems
  import opened ConcurrentAnswers

  /** At state j an insertion of a key with overflow bit b finds group g without a free slot and goes on. */
  ghost predicate PassesFull(run: seq<State>, j: nat, g: nat, b: nat)
    requires j + 1 < |run|
  {
    exists u :: u in run[j].pc && u in run[j + 1].pc && run[j].pc[u].Held? && run[j + 1].pc[u].Seek?
                && GroupOf(run[j], run[j].pc[u].e.key, run[j].pc[u].j) == g && Bit(run[j].h(run[j].pc[u].e.key)) == b
                && forall x: nat :: x < |run[j].t.tags| && x / SLOTS == g ==> run[j].t.tags[x] != FREE
  }

  ghost predicate PassedSince(run: seq<State>, r: nat, i: nat, g: nat, b: nat)
    requires i < |run|
  {
    exists j: nat :: r <= j < i && PassesFull(run, j, g, b)
  }

  /** No rehash and no clear between states r and i. */
  ghost predicate Uninterrupted(run: seq<State>, r: nat, i: nat)
    requires i < |run|
  {
    forall n: nat :: r <= n < i ==> SomeoneSteps(run, n)
  }

  ghost predicate SomeoneSteps(run: seq<State>, n: nat)
    requires n + 1 < |run|
  {
    Stepped(run[n], run[n + 1])
  }

  ghost predicate Stepped(s: State, s': State) { exists u :: ThreadStep(s, s', u) }

  lemma FullGroup(s: State, g: nat)
    requires Sized(s) && g < Pow2(s.t.exp)
    ensures !GroupHasFree(s, g) <==> forall x: nat :: x < |s.t.tags| && x / SLOTS == g ==> s.t.tags[x] != FREE
  {
    if !GroupHasFree(s, g) {
      forall x: nat | x < |s.t.tags| && x / SLOTS == g ensures s.t.tags[x] != FREE {
        SlotOfGroup(x);
      }
    } else {
      var i: nat :| i < SLOTS && SlotAt(g, i) < |s.t.tags| && s.t.tags[SlotAt(g, i)] == FREE;
      assert SlotAt(g, i) / SLOTS == g;
    }
  }

  /** Passing a full group marks it, and nothing else does. */
  lemma MarkStep(s: State, s': State, u: Tid, g: nat, b: nat)
    requires ThreadStep(s, s', u) && g < |s.t.overflow|
    ensures g < |s'.t.overflow|
    ensures b in s'.t.overflow[g] <==>
              || b in s.t.overflow[g]
              || (s.pc[u].Held? && u in s'.pc && s'.pc[u].Seek? && GroupOf(s, s.pc[u].e.key, s.pc[u].j) == g
                  && Bit(s.h(s.pc[u].e.key)) == b && !GroupHasFree(s, g))
  {
    if PlaceStep(s, s', u) && s.pc[u].Held? {
      assert GroupHasFree(s, GroupOf(s, s.pc[u].e.key, s.pc[u].j)) ==> s'.t == s.t;
    }
  }

  lemma MarkNext(run: seq<State>, i: nat, g: nat, b: nat)
    requires i + 1 < |run| && SomeoneSteps(run, i) && g < |run[i].t.overflow|
    ensures g < |run[i + 1].t.overflow|
    ensures b in run[i + 1].t.overflow[g] <==> b in run[i].t.overflow[g] || PassesFull(run, i, g, b)
  {
    var s, s' := run[i], run[i + 1];
    var u :| ThreadStep(s, s', u);
    MarkStep(s, s', u, g, b);
    StepOwnMove(s, s', u);
    FullGroup(s, g);
  }

  lemma PassedNext(run: seq<State>, r: nat, i: nat, g: nat, b: nat)
    requires r <= i && i + 1 < |run|
    ensures PassedSince(run, r, i + 1, g, b) <==> PassedSince(run, r, i, g, b) || PassesFull(run, i, g, b)
  {
  }

  lemma LastStep(run: seq<State>, r: nat, i: nat)
    requires r <= i && i + 1 < |run| && Uninterrupted(run, r, i + 1)
    ensures Uninterrupted(run, r, i) && SomeoneSteps(run, i)
  {
  }

  lemma {:induction false} SameArray(run: seq<State>, r: nat, i: nat)
    requires r <= i < |run| && Uninterrupted(run, r, i)
    ensures |run[i].t.overflow| == |run[r].t.overflow|
    decreases i - r
  {
    if r < i {
      LastStep(run, r, i - 1);
      SameArray(run, r, i - 1);
      StepSameArray(run[i - 1], run[i]);
    }
  }

  lemma StepSameArray(s: State, s': State)
    requires Stepped(s, s')
    ensures |s'.t.overflow| == |s.t.overflow|
  {
    var u :| ThreadStep(s, s', u);
  }

  /** A bit of a group is marked exactly when it was marked to begin with or an insertion
   *  with that bit has passed the group while it was full.
   */
  lemma {:induction false} MarksAreEarned(run: seq<State>, r: nat, i: nat, g: nat, b: nat)
    requires r <= i < |run| && Uninterrupted(run, r, i) && g < |run[r].t.overflow|
    ensures g < |run[i].t.overflow|
    ensures b in run[i].t.overflow[g] <==> b in run[r].t.overflow[g] || PassedSince(run, r, i, g, b)
    decreases i - r
  {
    if r < i {
      LastStep(run, r, i - 1);
      MarksAreEarned(run, r, i - 1, g, b);
      MarkNext(run, i - 1, g, b);
      PassedNext(run, r, i - 1, g, b);
    }
  }

  // ------------------------------------------------------------- the erased slot

  /** A step changes only tags of groups its thread holds exclusively. */
  lemma TagsOfHeldGroups(s: State, s': State, u: Tid, x: nat)
    requires Sized(s) && u in s.pc && (EraseStep(s, s', u) || PlaceStep(s, s', u)) && x < |s.t.tags|
    ensures x < |s'.t.tags| && (s'.t.tags[x] == s.t.tags[x] || HoldsExclusive(s, s.pc[u], x / SLOTS))
  {
  }

  lemma TagsUntouched(s: State, s': State, u: Tid)
    requires Sized(s) && u in s.pc && (CallStep(s, s', u) || WalkStep(s, s', u) || ReserveStep(s, s', u))
    ensures s'.t.tags == s.t.tags
  {
  }

  /** A step of another thread leaves the tags of a group held exclusively alone. */
  lemma HeldTagStays(s: State, s': State, u: Tid, t: Tid, x: nat)
    requires Sized(s) && LocksExclude(s) && ThreadStep(s, s', u) && u != t && t in s.pc
    requires x < |s.t.tags| && HoldsExclusive(s, s.pc[t], x / SLOTS)
    ensures x < |s'.t.tags| && s'.t.tags[x] == s.t.tags[x]
  {
    assert !HoldsExclusive(s, s.pc[u], x / SLOTS);
    if EraseStep(s, s', u) || PlaceStep(s, s', u) {
      TagsOfHeldGroups(s, s', u, x);
    } else {
      TagsUntouched(s, s', u);
    }
  }

  /** The slot an erasure works on still carries the tag of the erased key. */
  ghost predicate ErasedTag(s: State, t: Tid, k: Key) {
    t in s.pc && s.pc[t].Destroyed? ==> s.pc[t].x < |s.t.tags| && s.t.tags[s.pc[t].x] == Tag(s.h(k))
  }

  lemma DestroyedTag(s: State, s': State, t: Tid, k: Key)
    requires Inv(s) && t in s.pc && ThreadStep(s, s', t) && CallingAt(s, t) && Performs(s.pc[t], Drop(k))
    ensures ErasedTag(s', t, k)
  {
    if t in s'.pc && s'.pc[t].Destroyed? {
      assert WalkStep(s, s', t) && s.pc[t].Compare?;
      assert Stores(s, s'.pc[t].x, k);
      StoredIsClaimed(s, s'.pc[t].x, k);
    }
  }

  lemma NextErasedTag(run: seq<State>, n: nat, t: Tid, k: Key)
    requires Behavior(run) && n + 1 < |run| && CallingAt(run[n], t) && Performs(run[n].pc[t], Drop(k)) && ErasedTag(run[n], t, k)
    ensures ErasedTag(run[n + 1], t, k)
  {
    var u := CallStepIsThreads(run, n, t);
    if u == t {
      DestroyedTag(run[n], run[n + 1], t, k);
    } else if run[n].pc[t].Destroyed? {
      HeldTagStays(run[n], run[n + 1], u, t, run[n].pc[t].x);
    }
  }

  lemma {:induction false} ErasedTagStays(run: seq<State>, a: nat, n: nat, t: Tid, k: Key)
    requires Behavior(run) && a <= n < |run| && Calls(run, a, n, t, Drop(k))
    ensures ErasedTag(run[n], t, k)
    decreases n - a
  {
    if a < n {
      CallsPrefix(run, a, n - 1, t, Drop(k));
      ErasedTagStays(run, a, n - 1, t, k);
      CallPerforms(run, a, n - 1, t, Drop(k));
      NextErasedTag(run, n - 1, t, k);
    }
  }

  /** An erasure lowers the maximum load by one if the overflow bit of its key is marked in
   *  the group it left a hole in: marked to begin with, or by an insertion that had to pass
   *  that group.  Otherwise it leaves the maximum load alone.
   */
  lemma LoweredExactly(run: seq<State>, a: nat, i: nat, t: Tid, k: Key, r: nat)
    requires Behavior(run) && a <= i && i + 1 < |run| && Calls(run, a, i, t, Drop(k))
    requires t in run[i].pc && run[i].pc[t].Destroyed? && ThreadStep(run[i], run[i + 1], t)
    requires r <= i && Uninterrupted(run, r, i)
    ensures var g, b := run[i].pc[t].x / SLOTS, Bit(run[i].h(k));
            && g < |run[r].t.overflow|
            && run[i + 1].ml == run[i].ml - (if b in run[r].t.overflow[g] || PassedSince(run, r, i, g, b) then 1 else 0)
  {
    ErasedTagStays(run, a, i, t, k);
    RunKeepsInvariant(run, i);
    var g := run[i].pc[t].x / SLOTS;
    GroupInRange(run[i].t, run[i].pc[t].x);
    SameArray(run, r, i);
    MarksAreEarned(run, r, i, g, Bit(run[i].h(k)));
    assert EraseStep(run[i], run[i + 1], t);
  }
}

/** The steps over the group arrays that the table's operations share: matching a
 *  group, finding a free slot, placing an element, and moving all elements over.
 */
module TableCore {
  import opened Prober
  import opened Hashing
  import opened TableLayout
  import opened Optional

  ghost function LayoutOf(exp: nat, dummy: bool, tags: array<nat>, overflow: array<set<nat>>,
                          elems: array<Option<Entry>>): Layout
    reads tags, overflow, elems
  {
    Layout(exp, dummy, tags[..], overflow[..], elems[..])
  }

  // ------------------------------------------------------- matching in a group

  ghost predicate Matches(tags: seq<nat>, g: nat, i: nat, t: nat) {
    i < SLOTS && SlotAt(g, i) < |tags| && tags[SlotAt(g, i)] == t
  }

  ghost function MatchSet(tags: seq<nat>, g: nat, t: nat): (s: set<nat>) {
    set i: nat | i < SLOTS && Matches(tags, g, i, t)
  }

  lemma {:induction false} LeastExists(mask: set<nat>)
    requires mask != {}
    ensures exists n :: IsLeast(n, mask)
    decreases |mask|
  {
    var x :| x in mask;
    var rest := mask - {x};
    assert forall m :: m in mask ==> m == x || m in rest;
    if rest == {} {
      assert IsLeast(x, mask);
    } else {
      LeastExists(rest);
      var n :| IsLeast(n, rest);
      assert IsLeast(if n < x then n else x, mask);
    }
  }

  lemma GroupFits(exp: nat, g: nat)
    requires g < Pow2(exp)
    ensures (g + 1) * SLOTS <= SLOTS * Pow2(exp)
  {
  }

  /** The slots of group g carrying tag t, as a bit mask would list them. */
  method Match(tags: array<nat>, g: nat, t: nat) returns (mask: set<nat>)
    requires (g + 1) * SLOTS <= tags.Length
    ensures mask == MatchSet(tags[..], g, t)
  {
    mask := {};
    for i := 0 to SLOTS
      invariant forall j :: j in mask <==> 0 <= j < i && Matches(tags[..], g, j, t)
    {
      if tags[SlotAt(g, i)] == t {
        mask := mask + {i};
      }
    }
  }

  /** Slots that match the tag but do not hold k leave no place for k in the group. */
  lemma UnmatchedAbsent(L: Layout, h: Hasher, k: Key, g: nat, rejected: set<nat>)
    requires WellPlaced(L, h) && g < Pow2(L.exp)
    requires MatchSet(L.tags, g, Tag(h(k))) <= rejected
    requires forall i :: i in rejected ==> !HasKey(L.elems, SlotAt(g, i), k)
    ensures Absent(L.elems, k, g)
  {
    forall x: nat | x / SLOTS == g ensures !HasKey(L.elems, x, k) {
      var i := x % SLOTS;
      assert x < |L.tags| ==> Settled(L, h, x);
      assert x == SlotAt(g, i);
      assert HasKey(L.elems, x, k) ==> Matches(L.tags, g, i, Tag(h(k)));
    }
  }

  // ----------------------------------------------------------------- insertion

  ghost predicate GroupFull(tags: seq<nat>, g: nat) {
    forall i: nat :: i < SLOTS && SlotAt(g, i) < |tags| ==> tags[SlotAt(g, i)] != FREE
  }

  /** If every group of a full walk is full, there is no free slot at all. */
  lemma NotAllFull(L: Layout, h: Hasher, hash: Hash64, j: nat)
    requires WellPlaced(L, h) && |Live(L.elems)| < Capacity(L)
    requires forall i: nat :: i < j ==> GroupFull(L.tags, ProbeGroup(L.exp, hash, i))
    ensures j < Pow2(L.exp)
  {
    var x := FreeSlotExists(L, h);
    GroupInRange(L, x);
    var i := ProbeMeets(L.exp, hash, x / SLOTS);
    assert x == SlotAt(x / SLOTS, x % SLOTS);
    assert !GroupFull(L.tags, ProbeGroup(L.exp, hash, i));
  }

  /** Walk to the first group with a free slot, marking every full group on the way.
   *  The result of the prober's step is ignored: a free slot exists, so one full
   *  walk is enough.
   */
  method SeekFree(h: Hasher, ghost L: Layout, tags: array<nat>, overflow: array<set<nat>>, hash: Hash64, exp: nat)
    returns (g: nat, mask: set<nat>, step: nat)
    requires WellPlaced(L, h) && |Live(L.elems)| < Capacity(L)
    requires L.exp == exp && L.tags == tags[..] && L.overflow == overflow[..]
    modifies overflow
    ensures L.tags == tags[..]
    ensures Marked(L.overflow, overflow[..])
    ensures step < Pow2(exp) && g == ProbeGroup(exp, hash, step)
    ensures Passed(exp, overflow[..], hash, step)
    ensures forall i: nat :: i < step ==> GroupFull(tags[..], ProbeGroup(exp, hash, i))
    ensures MarkedOnWalk(exp, L.overflow, overflow[..], hash, step)
    ensures mask != {} && mask == MatchSet(tags[..], g, FREE)
  {
    var pb := new QuadraticProber(Home(hash, exp));
    WalkStartsHome(Home(hash, exp), Pow2(exp));
    while true
      invariant fresh(pb) && pb.home == Home(hash, exp) && pb.OnCourse(Pow2(exp))
      invariant L.tags == tags[..]
      invariant Marked(L.overflow, overflow[..])
      invariant Passed(exp, overflow[..], hash, pb.step)
      invariant MarkedOnWalk(exp, L.overflow, overflow[..], hash, pb.step)
      invariant forall i: nat :: i < pb.step ==> GroupFull(L.tags, ProbeGroup(exp, hash, i))
      invariant pb.step < Pow2(exp)
      decreases Pow2(exp) - pb.step
    {
      g, step := pb.pos, pb.step;
      GroupFits(exp, g);
      mask := Match(tags, g, FREE);
      if mask != {} {
        return;
      }
      FullWhenUnmatched(L.tags, g);
      ghost var before := overflow[..];
      overflow[g] := overflow[g] + {Bit(hash)};
      MarkOne(exp, L.overflow, before, overflow[..], hash, step);
      var _ := pb.Next(Pow2(exp) - 1, exp);
      NotAllFull(L, h, hash, pb.step);
    }
  }

  lemma MarkOne(exp: nat, first: seq<set<nat>>, before: seq<set<nat>>, after: seq<set<nat>>, hash: Hash64, j: nat)
    requires |before| == Pow2(exp) && Marked(first, before) && Passed(exp, before, hash, j)
    requires var g := ProbeGroup(exp, hash, j); after == before[g := before[g] + {Bit(hash)}]
    requires MarkedOnWalk(exp, first, before, hash, j)
    ensures Marked(first, after) && Passed(exp, after, hash, j + 1)
    ensures MarkedOnWalk(exp, first, after, hash, j + 1)
  {
  }

  ghost predicate MetBefore(exp: nat, hash: Hash64, j: nat, g: nat) {
    exists i: nat :: i < j && ProbeGroup(exp, hash, i) == g
  }

  /** The walk up to probe j has marked the groups it met for this hash, and nothing else. */
  ghost predicate MarkedOnWalk(exp: nat, first: seq<set<nat>>, after: seq<set<nat>>, hash: Hash64, j: nat) {
    && |after| == |first|
    && forall g :: 0 <= g < |first| ==> after[g] == if MetBefore(exp, hash, j, g) then first[g] + {Bit(hash)} else first[g]
  }

  lemma FullWhenUnmatched(tags: seq<nat>, g: nat)
    requires MatchSet(tags, g, FREE) == {}
    ensures GroupFull(tags, g)
  {
    forall i: nat | i < SLOTS && SlotAt(g, i) < |tags| ensures tags[SlotAt(g, i)] != FREE {
      assert i !in MatchSet(tags, g, FREE);
    }
  }

  /** Overflow marks have only been added. */
  ghost predicate Marked(before: seq<set<nat>>, after: seq<set<nat>>) {
    |before| == |after| && forall i :: 0 <= i < |before| ==> before[i] <= after[i]
  }

  lemma MarksSettle(L: Layout, h: Hasher, overflow: seq<set<nat>>)
    requires WellPlaced(L, h) && Marked(L.overflow, overflow)
    ensures WellPlaced(L.(overflow := overflow), h)
  {
    forall y: nat | y < |L.tags| ensures Settled(L.(overflow := overflow), h, y) {
      assert Settled(L, h, y);
      SettledGrows(L, L.(overflow := overflow), h, y);
    }
  }

  /** Construct e in the first group of its probe sequence that has a free slot. */
  method EmplaceAt(h: Hasher, exp: nat, tags: array<nat>, overflow: array<set<nat>>, elems: array<Option<Entry>>, e: Entry)
    returns (slot: nat, probes: nat)
    requires WellPlaced(LayoutOf(exp, false, tags, overflow, elems), h)
    requires e.key !in ContentsOf(elems[..])
    requires |Live(elems[..])| < CapacityOf(exp)
    modifies tags, overflow, elems
    ensures WellPlaced(LayoutOf(exp, false, tags, overflow, elems), h)
    ensures ContentsOf(elems[..]) == old(ContentsOf(elems[..]))[e.key := e.value]
    ensures |Live(elems[..])| == old(|Live(elems[..])|) + 1
    ensures slot < elems.Length && old(elems[slot]) == None && elems[..] == old(elems[..])[slot := Some(e)]
    ensures 1 <= probes <= Pow2(exp)
    ensures slot / SLOTS == ProbeGroup(exp, h(e.key), probes - 1)
    ensures forall i: nat :: i < probes - 1 ==> GroupFull(old(tags[..]), ProbeGroup(exp, h(e.key), i))
    ensures MarkedOnWalk(exp, old(overflow[..]), overflow[..], h(e.key), probes - 1)
  {
    ghost var L := LayoutOf(exp, false, tags, overflow, elems);
    var g, mask, step := SeekFree(h, L, tags, overflow, h(e.key), exp);
    LeastExists(mask);
    var n :| IsLeast(n, mask);
    slot, probes := SlotAt(g, n), step + 1;
    SlotOfGroup(L, g, n);
    MarksSettle(L, h, overflow[..]);
    PutAtSlot(L.(overflow := overflow[..]), h, slot, e, step);
    elems[slot] := Some(e);
    tags[slot] := Tag(h(e.key));
    ghost var L' := L.(overflow := overflow[..], tags := L.tags[slot := Tag(h(e.key))], elems := L.elems[slot := Some(e)]);
    assert LayoutOf(exp, false, tags, overflow, elems) == L';
  }

  lemma SlotOfGroup(L: Layout, g: nat, i: nat)
    requires Shape(L) && g < Pow2(L.exp) && i < SLOTS
    ensures SlotAt(g, i) < |L.tags| && SlotAt(g, i) / SLOTS == g && SlotAt(g, i) % SLOTS == i
  {
  }

  lemma PutAtSlot(L: Layout, h: Hasher, x: nat, e: Entry, j: nat)
    requires WellPlaced(L, h) && !L.dummy && x < |L.tags| && L.tags[x] == FREE
    requires e.key !in ContentsOf(L.elems)
    requires Passed(L.exp, L.overflow, h(e.key), j) && ProbeGroup(L.exp, h(e.key), j) == x / SLOTS
    ensures L.elems[x] == None
    ensures var L' := L.(tags := L.tags[x := Tag(h(e.key))], elems := L.elems[x := Some(e)]);
            && WellPlaced(L', h)
            && ContentsOf(L'.elems) == ContentsOf(L.elems)[e.key := e.value]
            && |Live(L'.elems)| == |Live(L.elems)| + 1
  {
    assert Settled(L, h, x);
    PutSettles(L, h, x, e);
  }

  // ------------------------------------------------------- transfer of elements

  /** One more slot of the source array: its element, if any, joins the map. */
  lemma PrefixContents(elems: seq<Option<Entry>>, x: nat)
    requires Distinct(elems) && x < |elems|
    ensures Distinct(elems[..x]) && Distinct(elems[..x + 1])
    ensures match elems[x]
            case None =>
              && ContentsOf(elems[..x + 1]) == ContentsOf(elems[..x])
              && Live(elems[..x + 1]) == Live(elems[..x])
            case Some(e) =>
              && e.key !in ContentsOf(elems[..x])
              && ContentsOf(elems[..x + 1]) == ContentsOf(elems[..x])[e.key := e.value]
              && Live(elems[..x + 1]) == Live(elems[..x]) + {x} && x !in Live(elems[..x])
  {
    var before, after := elems[..x], elems[..x + 1];
    assert forall y: nat, k: Key :: HasKey(before, y, k) <==> y < x && HasKey(elems, y, k);
    assert forall y: nat, k: Key :: HasKey(after, y, k) <==> y <= x && HasKey(elems, y, k);
    var m, m' := ContentsOf(before), ContentsOf(after);
    forall k | k in m ensures k in m' && m'[k] == m[k] {
      var y: nat :| HasKey(before, y, k);
      assert HasKey(after, y, k);
    }
    forall k | k in m' ensures k in m || HasKey(elems, x, k) {
      var y: nat :| HasKey(after, y, k);
      assert y < x ==> HasKey(before, y, k);
    }
    if elems[x].Some? {
      var k := elems[x].value.key;
      assert HasKey(after, x, k);
      assert k in m ==> exists y: nat :: HasKey(before, y, k);
    }
  }

  lemma WholePrefix(elems: seq<Option<Entry>>)
    requires Distinct(elems)
    ensures elems[..|elems|] == elems && elems[..0] == []
    ensures ContentsOf([]) == map[] && Live([]) == {}
  {
    assert forall x: nat, k: Key :: !HasKey([], x, k);
    assert KeysOf([]) == {};
  }

  lemma PrefixKeys(elems: seq<Option<Entry>>, x: nat)
    requires Distinct(elems) && x <= |elems|
    ensures Distinct(elems[..x])
    ensures ContentsOf(elems[..x]).Keys <= ContentsOf(elems).Keys
    ensures forall k :: k in ContentsOf(elems[..x]) ==> ContentsOf(elems[..x])[k] == ContentsOf(elems)[k]
    ensures |Live(elems[..x])| <= |Live(elems)|
  {
    assert forall y: nat, k: Key :: HasKey(elems[..x], y, k) <==> y < x && HasKey(elems, y, k);
    forall k | k in ContentsOf(elems[..x])
      ensures k in ContentsOf(elems) && ContentsOf(elems[..x])[k] == ContentsOf(elems)[k]
    {
      var y: nat :| HasKey(elems[..x], y, k);
      assert HasKey(elems, y, k);
    }
    SubsetBound(Live(elems[..x]), Live(elems));
  }

  lemma TransferStep(elems: seq<Option<Entry>>, x: nat, m: map<Key, Value>)
    requires Distinct(elems) && x < |elems|
    requires m.Keys !! ContentsOf(elems).Keys
    ensures Distinct(elems[..x]) && Distinct(elems[..x + 1])
    ensures |Live(elems[..x + 1])| <= |Live(elems)|
    ensures elems[x] == None ==>
              && ContentsOf(elems[..x + 1]) == ContentsOf(elems[..x])
              && |Live(elems[..x + 1])| == |Live(elems[..x])|
    ensures elems[x].Some? ==>
              var e := elems[x].value;
              && e.key !in m + ContentsOf(elems[..x])
              && (m + ContentsOf(elems[..x]))[e.key := e.value] == m + ContentsOf(elems[..x + 1])
              && |Live(elems[..x + 1])| == |Live(elems[..x])| + 1
  {
    PrefixContents(elems, x);
    PrefixKeys(elems, x + 1);
    if elems[x].Some? {
      assert HasKey(elems, x, elems[x].value.key);
    }
  }

  /** Move every element of the old arrays into the new ones, in slot order. */
  method TransferAll(h: Hasher, ghost from: Layout, old_tags: array<nat>, old_elems: array<Option<Entry>>,
                     exp: nat, tags: array<nat>, overflow: array<set<nat>>, elems: array<Option<Entry>>)
    requires old_elems != elems && old_tags != tags
    requires WellPlaced(from, h) && !from.dummy && from.tags == old_tags[..] && from.elems == old_elems[..]
    requires WellPlaced(LayoutOf(exp, false, tags, overflow, elems), h)
    requires ContentsOf(elems[..]).Keys !! ContentsOf(from.elems).Keys
    requires |Live(elems[..])| + |Live(from.elems)| <= CapacityOf(exp)
    modifies tags, overflow, elems
    ensures WellPlaced(LayoutOf(exp, false, tags, overflow, elems), h)
    ensures ContentsOf(elems[..]) == old(ContentsOf(elems[..])) + ContentsOf(from.elems)
    ensures |Live(elems[..])| == old(|Live(elems[..])|) + |Live(from.elems)|
    ensures Preserved(old(elems[..]), elems[..])
  {
    ghost var m0, n0 := ContentsOf(elems[..]), |Live(elems[..])|;
    WholePrefix(from.elems);
    assert m0 + map[] == m0;
    for x := 0 to old_elems.Length
      invariant from.tags == old_tags[..] && from.elems == old_elems[..]
      invariant WellPlaced(LayoutOf(exp, false, tags, overflow, elems), h)
      invariant Distinct(from.elems[..x])
      invariant ContentsOf(elems[..]) == m0 + ContentsOf(from.elems[..x])
      invariant |Live(elems[..])| == n0 + |Live(from.elems[..x])|
      invariant Preserved(old(elems[..]), elems[..])
    {
      assert Settled(from, h, x);
      TransferStep(from.elems, x, m0);
      if old_tags[x] != FREE && x + 1 != old_tags.Length {
        ghost var mid := elems[..];
        var y, _ := EmplaceAt(h, exp, tags, overflow, elems, old_elems[x].value);
        StillPreserved(old(elems[..]), mid, y, Some(old_elems[x].value));
      }
    }
  }

  lemma StillPreserved(before: seq<Option<Entry>>, mid: seq<Option<Entry>>, y: nat, e: Option<Entry>)
    requires Preserved(before, mid) && y < |mid| && mid[y] == None
    ensures Preserved(before, mid[y := e])
  {
  }

  /** Elements already placed have not moved. */
  ghost predicate Preserved(before: seq<Option<Entry>>, after: seq<Option<Entry>>) {
    |before| == |after| && forall x :: 0 <= x < |before| && before[x].Some? ==> after[x] == before[x]
  }
}
